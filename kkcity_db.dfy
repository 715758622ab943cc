/** db.go: the first-generation stores. Languages are passed as codes, which the callers
    take from the lowercased list of language.go; the database behind the package-level
    pool is the state of a Store. */
module KkcityDb {
  import opened Base
  import opened Schema
  import opened Storage
  import Ascii
  import Language

  class Store {
    var schema: Schema
    var countries: Countries
    var cities: Cities

    ghost predicate Valid()
      reads this
    {
      WellFormed(schema) && CountryKeysNormal(countries) && RowsInTables(schema, countries, cities)
    }

    /** A fresh, empty database. */
    constructor ()
      ensures Valid()
      ensures schema == map[] && countries == map[] && cities == map[]
    {
      schema, countries, cities := map[], map[], map[];
    }

    /** use: in one transaction, prepare the country table and then the city table, and
        commit. A failed ALTER panics before the commit (ok == false): nothing changes. */
    method Use(langs: seq<string>) returns (ok: bool)
      requires Valid()
      requires Language.AllCodes(langs)
      modifies this
      ensures Valid()
      ensures ok <==> Prepared(old(schema), langs).Some?
      ensures schema == if ok then Prepared(old(schema), langs).value else old(schema)
      ensures ok ==> Extends(old(schema), schema) && Ready(schema, langs)
      ensures countries == old(countries) && cities == old(cities)
    {
      var tx := PrepareCountry(schema, langs);
      if tx.None? {
        return false;
      }
      tx := PrepareCity(tx.value, langs);
      if tx.None? {
        return false;
      }
      PreparedReady(schema, langs);
      schema := tx.value;
      return true;
    }

    /** checkDBColumnExisted: true exactly when the committed table has a column of that
        name; a missing row reads as false. */
    function CheckDbColumnExisted(table: string, column: string): (r: bool)
      reads this
      ensures r <==> table in schema && column in schema[table]
    {
      HasColumns(schema, table, {column})
    }

    /** prepareCountry on transaction schema tx: create the table if absent, then add
        name_<lang> for each language whose column the committed schema lacks. */
    method PrepareCountry(tx: Schema, langs: seq<string>) returns (r: Option<Schema>)
      requires Language.AllCodes(langs)
      ensures r == CountryColumnsAdded(schema, CreateTable(tx, CountryTable, CountryKeys), langs)
    {
      var work := CreateTable(tx, CountryTable, CountryKeys);
      ghost var start := work;
      for i := 0 to |langs|
        invariant CountryColumnsAdded(schema, work, langs[i..]) == CountryColumnsAdded(schema, start, langs)
      {
        assert langs[i..][1..] == langs[i + 1..];
        var nameColumn := NameColumn(langs[i]);
        var existed := CheckDbColumnExisted(CountryTable, nameColumn);
        if !existed {
          var altered := AddColumn(work, CountryTable, nameColumn);
          if altered.None? {
            return None;
          }
          work := altered.value;
        }
      }
      return Some(work);
    }

    /** prepareCity on transaction schema tx: create the table if absent, then, for each
        language whose name column the committed schema lacks, add name_<lang> and
        address_<lang>. */
    method PrepareCity(tx: Schema, langs: seq<string>) returns (r: Option<Schema>)
      requires Language.AllCodes(langs)
      ensures r == CityColumnsAdded(schema, CreateTable(tx, CityTable, CityKeys), langs)
    {
      var work := CreateTable(tx, CityTable, CityKeys);
      ghost var start := work;
      for i := 0 to |langs|
        invariant CityColumnsAdded(schema, work, langs[i..]) == CityColumnsAdded(schema, start, langs)
      {
        assert langs[i..][1..] == langs[i + 1..];
        var nameColumn, addressColumn := NameColumn(langs[i]), AddressColumn(langs[i]);
        var existed := CheckDbColumnExisted(CityTable, nameColumn);
        if !existed {
          var altered := AddColumn(work, CityTable, nameColumn);
          if altered.None? {
            return None;
          }
          altered := AddColumn(altered.value, CityTable, addressColumn);
          if altered.None? {
            return None;
          }
          work := altered.value;
        }
      }
      return Some(work);
    }

    /** addCityInfo: insert (placeid, country) with no language text; a placeid already
        stored is accepted silently and changes nothing. */
    method AddCityInfo(placeid: string, country: string) returns (err: Option<Error>)
      requires Valid()
      modifies this
      ensures Valid()
      ensures schema == old(schema) && countries == old(countries)
      ensures (cities, err) == InsertCity(schema, old(cities), placeid, country)
      ensures placeid in old(cities) ==> err == None && cities == old(cities)
      ensures err == None ==> placeid in cities
      ensures err == None && placeid !in old(cities) ==>
        forall lang :: Language.IsCode(lang) && HasColumns(schema, CityTable, CityColumns(lang)) ==>
          GetCityInfo(placeid, lang) == CityResult(true, "", "", None)
    {
      var result := InsertCity(schema, cities, placeid, country);
      cities, err := result.0, result.1;
    }

    /** getCityInfo: three outcomes when the columns exist: no row, (false, "", "");
        a row, (true, name, address) with "" for a language never set. */
    function GetCityInfo(placeid: string, lang: string): (r: CityResult)
      requires Language.IsCode(lang)
      reads this
      ensures r.err.None? <==> HasColumns(schema, CityTable, CityColumns(lang))
      ensures r.err.Some? ==> r == CityResult(false, "", "", Some(ErrUndefinedColumn))
      ensures r.existed <==> r.err.None? && placeid in cities
      ensures r.existed ==> r.name == Text(cities[placeid].cells, NameColumn(lang)) &&
                            r.address == Text(cities[placeid].cells, AddressColumn(lang))
      ensures !r.existed ==> r.name == "" && r.address == ""
    {
      SelectCity(schema, cities, placeid, lang)
    }

    /** updateCityInfo: set that language's name and address on the row of placeid; every
        other placeid and every other language reads as before. */
    method UpdateCityInfo(placeid: string, name: string, address: string, lang: string) returns (err: Option<Error>)
      requires Valid()
      requires Language.IsCode(lang)
      modifies this
      ensures Valid()
      ensures schema == old(schema) && countries == old(countries)
      ensures (cities, err) == UpdateCity(schema, old(cities), placeid, lang, name, address)
      ensures err == None && placeid in cities ==> GetCityInfo(placeid, lang) == CityResult(true, name, address, None)
      ensures forall p, l :: Language.IsCode(l) && (p != placeid || l != lang) ==> GetCityInfo(p, l) == old(GetCityInfo(p, l))
    {
      var result := UpdateCity(schema, cities, placeid, lang, name, address);
      forall p, l | Language.IsCode(l) && (p != placeid || l != lang)
        ensures SelectCity(schema, result.0, p, l) == SelectCity(schema, cities, p, l)
      {
        if result.1 == None {
          UpdatedCityReads(schema, cities, placeid, lang, name, address, p, l);
        }
      }
      if result.1 == None && placeid in cities {
        UpdatedCityReads(schema, cities, placeid, lang, name, address, placeid, lang);
      }
      cities, err := result.0, result.1;
    }

    /** addCountry: reject an id whose length is not 2 before touching storage; store the
        id uppercased with only this language's name; an id already stored, in whatever
        language, is ErrCountryExisted and no change. */
    method AddCountry(id: string, name: string, lang: string) returns (err: Option<Error>)
      requires Valid()
      requires Language.IsCode(lang)
      modifies this
      ensures Valid()
      ensures schema == old(schema) && cities == old(cities)
      ensures |id| != 2 ==> err == Some(ErrCountryID) && countries == old(countries)
      ensures |id| == 2 ==> (countries, err) == InsertCountry(schema, old(countries), Ascii.Upper(id), lang, name)
      ensures err == None ==> GetCountryName(id, lang) == NameResult(true, name, None)
      ensures err == None ==> forall other :: Language.IsCode(other) && other != lang && HasColumns(schema, CountryTable, {NameColumn(other)}) ==>
                GetCountryName(id, other) == NameResult(true, "", None)
    {
      err := CheckCountryId(id);
      if err != None {
        return;
      }
      var upperId := Ascii.Upper(id);
      var result := InsertCountry(schema, countries, upperId, lang, name);
      InsertKeepsKeysNormal(schema, countries, id, lang, name);
      if result.1 == None {
        AddedCountryReads(schema, countries, upperId, lang, name);
      }
      countries, err := result.0, result.1;
    }

    /** getCountryName: ErrCountryID for a bad id before any storage access; otherwise the
        row of the uppercased id: absent is (false, ""), present is (true, name) with ""
        for a language never set. */
    function GetCountryName(id: string, lang: string): (r: NameResult)
      requires Language.IsCode(lang)
      reads this
      ensures r.err == Some(ErrCountryID) <==> |id| != 2
      ensures r.err.Some? ==> !r.existed && r.name == ""
      ensures |id| == 2 ==> (r.err.None? <==> HasColumns(schema, CountryTable, CountryKeys + {NameColumn(lang)}))
      ensures |id| == 2 && r.err.Some? ==> r.err == Some(ErrUndefinedColumn)
      ensures r.existed <==> r.err.None? && Ascii.Upper(id) in countries
      ensures r.existed ==> r.name == Text(countries[Ascii.Upper(id)].cells, NameColumn(lang))
      ensures !r.existed ==> r.name == ""
    {
      if |id| != 2 then NameResult(false, "", Some(ErrCountryID))
      else SelectCountry(schema, countries, Ascii.Upper(id), lang)
    }

    /** updateCountryInfo: no id check and no uppercasing; set the name of the row whose id
        is exactly the argument, or change nothing when there is none. */
    method UpdateCountryInfo(id: string, name: string, lang: string) returns (err: Option<Error>)
      requires Valid()
      requires Language.IsCode(lang)
      modifies this
      ensures Valid()
      ensures schema == old(schema) && cities == old(cities)
      ensures (countries, err) == UpdateCountry(schema, old(countries), id, lang, name)
      ensures id !in old(countries) ==> countries == old(countries)
      ensures Ascii.Upper(id) != id ==> countries == old(countries)
    {
      var result := UpdateCountry(schema, countries, id, lang, name);
      countries, err := result.0, result.1;
    }

    /** getCountries: every stored id with its name in lang ("" when unset). The query's
        error is discarded, so a missing column yields two empty lists and no error. */
    method GetCountries(lang: string) returns (ids: seq<string>, names: seq<string>, err: Option<Error>)
      requires Language.IsCode(lang)
      ensures err == None
      ensures HasColumns(schema, CountryTable, CountryKeys + {NameColumn(lang)}) ==>
                CountriesListed(countries, lang, ids, names)
      ensures !HasColumns(schema, CountryTable, CountryKeys + {NameColumn(lang)}) ==> ids == [] && names == []
    {
      ids, names, err := [], [], None;
      if !HasColumns(schema, CountryTable, CountryKeys + {NameColumn(lang)}) {
        return;
      }
      var rest := countries.Keys;
      while rest != {}
        invariant rest <= countries.Keys
        invariant |ids| == |names|
        invariant forall i, j :: 0 <= i < j < |ids| ==> ids[i] != ids[j]
        invariant forall id :: id in countries ==> (id in ids <==> id !in rest)
        invariant forall i :: 0 <= i < |ids| ==> ids[i] in countries && names[i] == Text(countries[ids[i]].cells, NameColumn(lang))
        decreases rest
      {
        var id :| id in rest;
        ids := ids + [id];
        names := names + [Text(countries[id].cells, NameColumn(lang))];
        rest := rest - {id};
      }
    }
  }
}
