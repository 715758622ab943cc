/** The db package (db/db.go, db/countrydb.go, db/citydb.go): the second-generation
    stores. Languages are chosen by an index into the package's own language list, so
    every operation can also fail with ErrLanguageIndex. */
module Db {
  import opened Base
  import opened Schema
  import opened Storage
  import Ascii
  import Language

  /** How Use ends: configured, or one of its two panics (a bad language code, or a
      failed schema preparation). */
  datatype UseOutcome = Configured | LanguagePanic | SchemaPanic

  class Store {
    var languages: seq<string>
    var schema: Schema
    var countries: Countries
    var cities: Cities

    ghost predicate Valid()
      reads this
    {
      && Language.AllCodes(languages)
      && WellFormed(schema)
      && CountryKeysNormal(countries)
      && RowsInTables(schema, countries, cities)
    }

    /** A process that has not called Use yet, over an empty database. */
    constructor ()
      ensures Valid()
      ensures languages == [] && schema == map[] && countries == map[] && cities == map[]
    {
      languages, schema, countries, cities := [], map[], map[], map[];
    }

    /** Use: lowercase and append each code to the existing list (it is never reset); a
        code whose length is not 2 panics with the codes before it already appended.
        Then prepare the schema for the whole list. */
    method Use(langs: seq<string>) returns (outcome: UseOutcome)
      requires Valid()
      requires Language.LetterCodes(langs)
      modifies this
      ensures Valid()
      ensures languages == old(languages) + Language.Lowered(langs[..Language.CheckedPrefix(langs)])
      ensures countries == old(countries) && cities == old(cities)
      ensures outcome == LanguagePanic <==> exists j :: 0 <= j < |langs| && |langs[j]| != 2
      ensures outcome == Configured <==> outcome != LanguagePanic && Prepared(old(schema), languages).Some?
      ensures outcome == Configured ==> schema == Prepared(old(schema), languages).value && Ready(schema, languages)
      ensures outcome != Configured ==> schema == old(schema)
    {
      var ok := AppendLanguages(langs);
      if !ok {
        return LanguagePanic;
      }
      ok := PrepareDb();
      outcome := if ok then Configured else SchemaPanic;
    }

    /** The loop of Use: lowercase and append each code in turn; a code whose length is
        not 2 stops it (the panic, ok == false) with the codes before it appended. */
    method AppendLanguages(langs: seq<string>) returns (ok: bool)
      requires Valid()
      requires Language.LetterCodes(langs)
      modifies this`languages
      ensures Valid()
      ensures ok <==> forall j :: 0 <= j < |langs| ==> |langs[j]| == 2
      ensures languages == old(languages) + Language.Lowered(langs[..Language.CheckedPrefix(langs)])
    {
      for i := 0 to |langs|
        invariant i <= Language.CheckedPrefix(langs)
        invariant languages == old(languages) + Language.Lowered(langs[..i])
        invariant Language.AllCodes(languages)
      {
        if |langs[i]| != 2 {
          return false;
        }
        Ascii.LowerOfLetters(langs[i]);
        Language.LoweredSnoc(langs, i);
        languages := languages + [Ascii.Lower(langs[i])];
      }
      assert langs[..|langs|] == langs;
      return true;
    }

    /** prepareDB: prepare the country table, then the city table, in one transaction, and
        commit; a failed ALTER panics before the commit (ok == false) and nothing changes. */
    method PrepareDb() returns (ok: bool)
      requires Valid()
      modifies this`schema
      ensures Valid()
      ensures ok <==> Prepared(old(schema), languages).Some?
      ensures schema == if ok then Prepared(old(schema), languages).value else old(schema)
      ensures ok ==> Ready(schema, languages)
    {
      var tx := PrepareCountry(schema);
      if tx.None? {
        return false;
      }
      tx := PrepareCity(tx.value);
      if tx.None? {
        return false;
      }
      PreparedReady(schema, languages);
      schema := tx.value;
      return true;
    }

    /** CheckColumnExisted: true exactly when the committed table has a column of that
        name; a missing row reads as false. */
    function CheckColumnExisted(table: string, column: string): (r: bool)
      reads this
      ensures r <==> table in schema && column in schema[table]
    {
      HasColumns(schema, table, {column})
    }

    /** prepareCountry on transaction schema tx, for every index of the language list. */
    method PrepareCountry(tx: Schema) returns (r: Option<Schema>)
      ensures r == CountryColumnsAdded(schema, CreateTable(tx, CountryTable, CountryKeys), languages)
    {
      var work := CreateTable(tx, CountryTable, CountryKeys);
      ghost var start := work;
      for i := 0 to |languages|
        invariant CountryColumnsAdded(schema, work, languages[i..]) == CountryColumnsAdded(schema, start, languages)
      {
        assert languages[i..][1..] == languages[i + 1..];
        var nameColumn := GetCountryColumnName(i).value;
        var existed := CheckColumnExisted(CountryTable, nameColumn);
        if !existed {
          var altered := AddColumn(work, CountryTable, nameColumn);
          if altered.None? {
            return None;
          }
          work := altered.value;
        }
      }
      return Some(work);
    }

    /** prepareCity on transaction schema tx, for every index of the language list. */
    method PrepareCity(tx: Schema) returns (r: Option<Schema>)
      ensures r == CityColumnsAdded(schema, CreateTable(tx, CityTable, CityKeys), languages)
    {
      var work := CreateTable(tx, CityTable, CityKeys);
      ghost var start := work;
      for i := 0 to |languages|
        invariant CityColumnsAdded(schema, work, languages[i..]) == CityColumnsAdded(schema, start, languages)
      {
        assert languages[i..][1..] == languages[i + 1..];
        var columns := GetCityColumnNames(i).value;
        var existed := CheckColumnExisted(CityTable, columns.0);
        if !existed {
          var altered := AddColumn(work, CityTable, columns.0);
          if altered.None? {
            return None;
          }
          altered := AddColumn(altered.value, CityTable, columns.1);
          if altered.None? {
            return None;
          }
          work := altered.value;
        }
      }
      return Some(work);
    }

    /** getCountryColumnName: "name_" and the code at index tp, or ErrLanguageIndex. */
    function GetCountryColumnName(tp: int): (r: Result<string, Error>)
      reads this
      ensures r.Ok? <==> 0 <= tp < |languages|
      ensures r.Ok? ==> r.value == NameColumn(languages[tp])
      ensures r.Err? ==> r.error == ErrLanguageIndex
    {
      if tp < 0 || tp >= |languages| then Err(ErrLanguageIndex) else Ok(NameColumn(languages[tp]))
    }

    /** getCityColumnNames: ("name_" + code, "address_" + code) for the code at index tp,
        or ErrLanguageIndex. */
    function GetCityColumnNames(tp: int): (r: Result<(string, string), Error>)
      reads this
      ensures r.Ok? <==> 0 <= tp < |languages|
      ensures r.Ok? ==> r.value == (NameColumn(languages[tp]), AddressColumn(languages[tp]))
      ensures r.Err? ==> r.error == ErrLanguageIndex
    {
      if tp < 0 || tp >= |languages| then Err(ErrLanguageIndex)
      else Ok((NameColumn(languages[tp]), AddressColumn(languages[tp])))
    }

    /** AddCountry: check the id, then the index, both before touching storage; store the
        id uppercased with only that language's name; a stored id is ErrCountryExisted and
        no change. */
    method AddCountry(id: string, name: string, tp: int) returns (err: Option<Error>)
      requires Valid()
      modifies this`countries
      ensures Valid()
      ensures |id| != 2 ==> err == Some(ErrCountryID) && countries == old(countries)
      ensures |id| == 2 && !(0 <= tp < |languages|) ==> err == Some(ErrLanguageIndex) && countries == old(countries)
      ensures |id| == 2 && 0 <= tp < |languages| ==>
                (countries, err) == InsertCountry(schema, old(countries), Ascii.Upper(id), languages[tp], name)
      ensures err == None ==> GetCountryName(id, tp) == NameResult(true, name, None)
      ensures err == None ==>
                forall k :: (0 <= k < |languages| && languages[k] != languages[tp] &&
                             HasColumns(schema, CountryTable, {NameColumn(languages[k])})) ==>
                  GetCountryName(id, k) == NameResult(true, "", None)
    {
      err := CheckCountryId(id);
      if err != None {
        return;
      }
      var nameColumn := GetCountryColumnName(tp);
      if nameColumn.Err? {
        return Some(nameColumn.error);
      }
      var upperId := Ascii.Upper(id);
      var result := InsertCountry(schema, countries, upperId, languages[tp], name);
      InsertKeepsKeysNormal(schema, countries, id, languages[tp], name);
      if result.1 == None {
        AddedCountryReads(schema, countries, upperId, languages[tp], name);
      }
      countries, err := result.0, result.1;
    }

    /** GetCountryName: check the id, then the index; then the row of the uppercased id:
        absent is (false, "", nil), present is (true, name) with "" for an unset language. */
    function GetCountryName(id: string, tp: int): (r: NameResult)
      reads this
      ensures r.err == Some(ErrCountryID) <==> |id| != 2
      ensures r.err == Some(ErrLanguageIndex) <==> |id| == 2 && !(0 <= tp < |languages|)
      ensures |id| == 2 && 0 <= tp < |languages| ==>
                (r.err.None? <==> HasColumns(schema, CountryTable, CountryKeys + {NameColumn(languages[tp])})) &&
                (r.err.Some? ==> r.err == Some(ErrUndefinedColumn))
      ensures r.err.Some? ==> !r.existed && r.name == ""
      ensures r.existed <==> r.err.None? && Ascii.Upper(id) in countries
      ensures r.existed ==> r.name == Text(countries[Ascii.Upper(id)].cells, NameColumn(languages[tp]))
      ensures !r.existed ==> r.name == ""
    {
      if |id| != 2 then NameResult(false, "", Some(ErrCountryID))
      else match GetCountryColumnName(tp)
        case Err(e) => NameResult(false, "", Some(e))
        case Ok(_) => SelectCountry(schema, countries, Ascii.Upper(id), languages[tp])
    }

    /** UpdateCountryInfo: check the index only; set the name of the row whose id is exactly
        the argument (not uppercased), or change nothing when there is none. */
    method UpdateCountryInfo(id: string, name: string, tp: int) returns (err: Option<Error>)
      requires Valid()
      modifies this`countries
      ensures Valid()
      ensures !(0 <= tp < |languages|) ==> err == Some(ErrLanguageIndex) && countries == old(countries)
      ensures 0 <= tp < |languages| ==>
                (countries, err) == UpdateCountry(schema, old(countries), id, languages[tp], name)
      ensures Ascii.Upper(id) != id ==> countries == old(countries)
    {
      var nameColumn := GetCountryColumnName(tp);
      if nameColumn.Err? {
        return Some(nameColumn.error);
      }
      var result := UpdateCountry(schema, countries, id, languages[tp], name);
      countries, err := result.0, result.1;
    }

    /** GetCountries: (nil, nil, ErrLanguageIndex) for a bad index; otherwise every stored
        id with its name in that language ("" when unset). The query's error is discarded,
        so a missing column yields two empty lists and no error. */
    method GetCountries(tp: int) returns (ids: seq<string>, names: seq<string>, err: Option<Error>)
      ensures !(0 <= tp < |languages|) ==> ids == [] && names == [] && err == Some(ErrLanguageIndex)
      ensures 0 <= tp < |languages| ==> err == None
      ensures 0 <= tp < |languages| && HasColumns(schema, CountryTable, CountryKeys + {NameColumn(languages[tp])}) ==>
                CountriesListed(countries, languages[tp], ids, names)
      ensures 0 <= tp < |languages| && !HasColumns(schema, CountryTable, CountryKeys + {NameColumn(languages[tp])}) ==>
                ids == [] && names == []
    {
      ids, names, err := [], [], None;
      var nameColumn := GetCountryColumnName(tp);
      if nameColumn.Err? {
        return [], [], Some(nameColumn.error);
      }
      if !HasColumns(schema, CountryTable, CountryKeys + {nameColumn.value}) {
        return;
      }
      var rest := countries.Keys;
      while rest != {}
        invariant rest <= countries.Keys
        invariant |ids| == |names|
        invariant forall i, j :: 0 <= i < j < |ids| ==> ids[i] != ids[j]
        invariant forall id :: id in countries ==> (id in ids <==> id !in rest)
        invariant forall i :: 0 <= i < |ids| ==> ids[i] in countries && names[i] == Text(countries[ids[i]].cells, nameColumn.value)
        decreases rest
      {
        var id :| id in rest;
        ids := ids + [id];
        names := names + [Text(countries[id].cells, nameColumn.value)];
        rest := rest - {id};
      }
    }

    /** AddCityInfo: insert (placeid, country) with no language text; a placeid already
        stored is accepted silently and changes nothing. */
    method AddCityInfo(placeid: string, country: string) returns (err: Option<Error>)
      requires Valid()
      modifies this`cities
      ensures Valid()
      ensures (cities, err) == InsertCity(schema, old(cities), placeid, country)
      ensures placeid in old(cities) ==> err == None && cities == old(cities)
      ensures err == None ==> placeid in cities
      ensures err == None && placeid !in old(cities) ==>
        forall tp :: 0 <= tp < |languages| && HasColumns(schema, CityTable, CityColumns(languages[tp])) ==>
          GetCityInfo(placeid, tp) == CityResult(true, "", "", None)
    {
      var result := InsertCity(schema, cities, placeid, country);
      cities, err := result.0, result.1;
    }

    /** GetCityInfo: ErrLanguageIndex for a bad index whatever the placeid; otherwise no
        row is (false, "", ""), a row is (true, name, address) with "" for an unset
        language. */
    function GetCityInfo(placeid: string, tp: int): (r: CityResult)
      reads this
      ensures !(0 <= tp < |languages|) ==> r == CityResult(false, "", "", Some(ErrLanguageIndex))
      ensures 0 <= tp < |languages| ==>
                (r.err.None? <==> HasColumns(schema, CityTable, CityColumns(languages[tp]))) &&
                (r.err.Some? ==> r == CityResult(false, "", "", Some(ErrUndefinedColumn)))
      ensures r.existed <==> r.err.None? && placeid in cities
      ensures r.existed ==> r.name == Text(cities[placeid].cells, NameColumn(languages[tp])) &&
                            r.address == Text(cities[placeid].cells, AddressColumn(languages[tp]))
      ensures !r.existed ==> r.name == "" && r.address == ""
    {
      match GetCityColumnNames(tp)
      case Err(e) => CityResult(false, "", "", Some(e))
      case Ok(_) => SelectCity(schema, cities, placeid, languages[tp])
    }

    /** UpdateCityInfo: an index out of range panics, so callers must pass a valid one; set
        that language's name and address on the row of placeid, and nothing else. */
    method UpdateCityInfo(placeid: string, name: string, address: string, tp: int) returns (err: Option<Error>)
      requires Valid()
      requires 0 <= tp < |languages|
      modifies this`cities
      ensures Valid()
      ensures (cities, err) == UpdateCity(schema, old(cities), placeid, languages[tp], name, address)
      ensures err == None && placeid in cities ==> GetCityInfo(placeid, tp) == CityResult(true, name, address, None)
      ensures forall p, k :: 0 <= k < |languages| && (p != placeid || languages[k] != languages[tp]) ==>
                GetCityInfo(p, k) == old(GetCityInfo(p, k))
    {
      var columns := GetCityColumnNames(tp);
      var result := UpdateCity(schema, cities, placeid, languages[tp], name, address);
      forall p, k | 0 <= k < |languages| && (p != placeid || languages[k] != languages[tp])
        ensures SelectCity(schema, result.0, p, languages[k]) == SelectCity(schema, cities, p, languages[k])
      {
        if result.1 == None {
          UpdatedCityReads(schema, cities, placeid, languages[tp], name, address, p, languages[k]);
        }
      }
      if result.1 == None && placeid in cities {
        UpdatedCityReads(schema, cities, placeid, languages[tp], name, address, placeid, languages[tp]);
      }
      cities, err := result.0, result.1;
    }
  }
}
