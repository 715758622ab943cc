/** The schema side of the stores: which tables and columns exist, and what the
    startup preparation (prepareCountry, prepareCity, run inside one transaction)
    does to them. Shared by db.go and the db package, which prepare the same way. */
module Schema {
  import opened Base

  /** Each existing table's set of column names; a table not in the map does not exist.
      Names are compared as written. PostgreSQL folds unquoted identifiers to lowercase,
      which leaves the column names of lowercase letter codes as they are; those are the
      only codes either store generation configures. */
  type Schema = map<string, set<string>>

  const CountryTable: string := "country_info"
  const CityTable: string := "city_info"
  /** The columns CREATE TABLE gives each table (its primary key, and the city's country id). */
  const CountryKeys: set<string> := {"id"}
  const CityKeys: set<string> := {"placeid", "country_id"}

  /** The per-language column names: "name_<lang>" in both tables, "address_<lang>" for cities. */
  function NameColumn(lang: string): (column: string)
    ensures |column| == 5 + |lang| && column[..5] == "name_" && column[5..] == lang
  {
    "name_" + lang
  }

  function AddressColumn(lang: string): (column: string)
    ensures |column| == 8 + |lang| && column[..8] == "address_" && column[8..] == lang
  {
    "address_" + lang
  }

  /** Different languages get different columns, a name column is never an address column,
      and no per-language column clashes with a key column. */
  lemma ColumnNamesDistinct(a: string, b: string)
    ensures NameColumn(a) == NameColumn(b) <==> a == b
    ensures AddressColumn(a) == AddressColumn(b) <==> a == b
    ensures NameColumn(a) != AddressColumn(b)
    ensures NameColumn(a) !in CountryKeys + CityKeys
    ensures AddressColumn(a) !in CountryKeys + CityKeys
  {
    if NameColumn(a) == NameColumn(b) {
      assert a == NameColumn(a)[5..] && b == NameColumn(b)[5..];
    }
    if AddressColumn(a) == AddressColumn(b) {
      assert a == AddressColumn(a)[8..] && b == AddressColumn(b)[8..];
    }
    assert NameColumn(a)[0] == 'n' && AddressColumn(b)[0] == 'a';
    assert NameColumn(a)[1] == 'a' && AddressColumn(a)[1] == 'd';
  }

  /** The table exists and has all the given columns: a statement over them can run. */
  predicate HasColumns(s: Schema, table: string, columns: set<string>)
  {
    table in s && columns <= s[table]
  }

  /** CREATE TABLE IF NOT EXISTS with the table's key columns. */
  function CreateTable(s: Schema, table: string, keys: set<string>): (r: Schema)
    ensures r.Keys == s.Keys + {table}
    ensures forall t :: t in s ==> r[t] == s[t]
    ensures table !in s ==> r[table] == keys
  {
    if table in s then s else s[table := keys]
  }

  /** ALTER TABLE ... ADD <column> text: fails when the table is missing or the column is
      already there. */
  function AddColumn(s: Schema, table: string, column: string): (r: Option<Schema>)
    ensures r.Some? <==> table in s && column !in s[table]
    ensures r.Some? ==> r.value.Keys == s.Keys && r.value[table] == s[table] + {column}
    ensures r.Some? ==> forall t :: t in s && t != table ==> r.value[t] == s[t]
  {
    if table in s && column !in s[table] then Some(s[table := s[table] + {column}]) else None
  }

  /** The column loop of prepareCountry. The existence check goes through the pool, so it
      sees the committed schema; the ALTER goes to the transaction's schema tx. None is a
      failed ALTER, after which the code panics. */
  function CountryColumnsAdded(committed: Schema, tx: Schema, langs: seq<string>): (r: Option<Schema>)
    ensures r.Some? ==> r.value.Keys == tx.Keys && Extends(tx, r.value)
    ensures r.Some? ==> forall t :: t in tx && t != CountryTable ==> r.value[t] == tx[t]
    decreases |langs|
  {
    if langs == [] then Some(tx)
    else if HasColumns(committed, CountryTable, {NameColumn(langs[0])}) then
      CountryColumnsAdded(committed, tx, langs[1..])
    else
      match AddColumn(tx, CountryTable, NameColumn(langs[0]))
      case None => None
      case Some(tx') => CountryColumnsAdded(committed, tx', langs[1..])
  }

  /** The column loop of prepareCity: when the name column is not committed, add the name
      column and then the address column. */
  function CityColumnsAdded(committed: Schema, tx: Schema, langs: seq<string>): (r: Option<Schema>)
    ensures r.Some? ==> r.value.Keys == tx.Keys && Extends(tx, r.value)
    ensures r.Some? ==> forall t :: t in tx && t != CityTable ==> r.value[t] == tx[t]
    decreases |langs|
  {
    if langs == [] then Some(tx)
    else if HasColumns(committed, CityTable, {NameColumn(langs[0])}) then
      CityColumnsAdded(committed, tx, langs[1..])
    else
      match AddColumn(tx, CityTable, NameColumn(langs[0]))
      case None => None
      case Some(tx') =>
        match AddColumn(tx', CityTable, AddressColumn(langs[0]))
        case None => None
        case Some(tx'') => CityColumnsAdded(committed, tx'', langs[1..])
  }

  /** The schema a whole preparation commits: create and extend the country table, then the
      city table, in one transaction started from the committed schema. None: it panicked
      and nothing was committed. */
  function Prepared(committed: Schema, langs: seq<string>): (r: Option<Schema>)
    ensures r.Some? ==> r.value.Keys == committed.Keys + {CountryTable, CityTable}
    ensures r.Some? ==> Extends(committed, r.value)
  {
    match CountryColumnsAdded(committed, CreateTable(committed, CountryTable, CountryKeys), langs)
    case None => None
    case Some(tx) => CityColumnsAdded(committed, CreateTable(tx, CityTable, CityKeys), langs)
  }

  /** t keeps every table and every column of s. */
  ghost predicate Extends(s: Schema, t: Schema)
  {
    forall table :: table in s ==> table in t && s[table] <= t[table]
  }

  /** The shape preparation keeps: existing tables have their key columns, and a city name
      column always comes with its address column. */
  ghost predicate WellFormed(s: Schema)
  {
    && (CountryTable in s ==> CountryKeys <= s[CountryTable])
    && (CityTable in s ==> CityKeys <= s[CityTable])
    && (CityTable in s ==> forall l :: NameColumn(l) in s[CityTable] ==> AddressColumn(l) in s[CityTable])
  }

  /** Every statement of the stores can run for each of the languages. */
  ghost predicate Ready(s: Schema, langs: seq<string>)
  {
    && HasColumns(s, CountryTable, CountryKeys)
    && HasColumns(s, CityTable, CityKeys)
    && forall l :: l in langs ==>
         NameColumn(l) in s[CountryTable] && NameColumn(l) in s[CityTable] && AddressColumn(l) in s[CityTable]
  }

  predicate Distinct(langs: seq<string>)
  {
    forall i, j :: 0 <= i < j < |langs| ==> langs[i] != langs[j]
  }

  lemma DistinctCons(langs: seq<string>)
    requires langs != []
    ensures Distinct(langs) <==> langs[0] !in langs[1..] && Distinct(langs[1..])
  {
    if langs[0] !in langs[1..] && Distinct(langs[1..]) {
      forall i, j | 0 <= i < j < |langs| ensures langs[i] != langs[j] {
        if i > 0 {
          assert langs[i] == langs[1..][i - 1] && langs[j] == langs[1..][j - 1];
        } else {
          assert langs[j] == langs[1..][j - 1];
        }
      }
    }
  }

  /** The country loop changes only the country table, only by adding columns, and leaves
      each language's name column either committed already or added. */
  lemma {:induction false} CountryColumnsAddedShape(committed: Schema, tx: Schema, langs: seq<string>)
    requires CountryTable in tx
    ensures CountryColumnsAdded(committed, tx, langs).Some? ==>
      var t := CountryColumnsAdded(committed, tx, langs).value;
      && CountryTable in t
      && t == tx[CountryTable := t[CountryTable]]
      && tx[CountryTable] <= t[CountryTable]
      && forall l :: l in langs ==>
           NameColumn(l) in t[CountryTable] || HasColumns(committed, CountryTable, {NameColumn(l)})
    decreases |langs|
  {
    if langs != [] && !HasColumns(committed, CountryTable, {NameColumn(langs[0])}) {
      var next := AddColumn(tx, CountryTable, NameColumn(langs[0]));
      if next.Some? {
        CountryColumnsAddedShape(committed, next.value, langs[1..]);
      }
    } else if langs != [] {
      CountryColumnsAddedShape(committed, tx, langs[1..]);
    }
  }

  /** The city loop changes only the city table, only by adding columns, keeps names paired
      with addresses, and leaves each language's columns either committed already or added. */
  lemma {:induction false} CityColumnsAddedShape(committed: Schema, tx: Schema, langs: seq<string>)
    requires CityTable in tx
    ensures CityColumnsAdded(committed, tx, langs).Some? ==>
      var t := CityColumnsAdded(committed, tx, langs).value;
      && CityTable in t
      && t == tx[CityTable := t[CityTable]]
      && tx[CityTable] <= t[CityTable]
      && ((forall l :: NameColumn(l) in tx[CityTable] ==> AddressColumn(l) in tx[CityTable]) ==>
          (forall l :: NameColumn(l) in t[CityTable] ==> AddressColumn(l) in t[CityTable]))
      && forall l :: l in langs ==>
           (NameColumn(l) in t[CityTable] && AddressColumn(l) in t[CityTable]) ||
           HasColumns(committed, CityTable, {NameColumn(l)})
    decreases |langs|
  {
    if langs != [] && !HasColumns(committed, CityTable, {NameColumn(langs[0])}) {
      var lang := langs[0];
      var next := AddColumn(tx, CityTable, NameColumn(lang));
      if next.Some? {
        var next' := AddColumn(next.value, CityTable, AddressColumn(lang));
        if next'.Some? {
          var tx'' := next'.value;
          assert tx''[CityTable] == tx[CityTable] + {NameColumn(lang), AddressColumn(lang)};
          if forall l :: NameColumn(l) in tx[CityTable] ==> AddressColumn(l) in tx[CityTable] {
            forall l | NameColumn(l) in tx''[CityTable] ensures AddressColumn(l) in tx''[CityTable] {
              ColumnNamesDistinct(l, lang);
              ColumnNamesDistinct(lang, l);
            }
          }
          CityColumnsAddedShape(committed, tx'', langs[1..]);
        }
      }
    } else if langs != [] {
      CityColumnsAddedShape(committed, tx, langs[1..]);
    }
  }

  /** A successful preparation only adds, keeps the schema well formed, and leaves every
      configured language with its country name column and its city name and address
      columns. */
  lemma PreparedReady(s: Schema, langs: seq<string>)
    requires WellFormed(s)
    requires Prepared(s, langs).Some?
    ensures Extends(s, Prepared(s, langs).value)
    ensures WellFormed(Prepared(s, langs).value)
    ensures Ready(Prepared(s, langs).value, langs)
  {
    var tx0 := CreateTable(s, CountryTable, CountryKeys);
    CountryColumnsAddedShape(s, tx0, langs);
    var tx1 := CountryColumnsAdded(s, tx0, langs).value;
    var tx2 := CreateTable(tx1, CityTable, CityKeys);
    forall l | NameColumn(l) in tx2[CityTable] ensures AddressColumn(l) in tx2[CityTable] {
      ColumnNamesDistinct(l, l);
    }
    CityColumnsAddedShape(s, tx2, langs);
  }

  lemma {:induction false} CountryColumnsNoOp(committed: Schema, tx: Schema, langs: seq<string>)
    requires forall l :: l in langs ==> HasColumns(committed, CountryTable, {NameColumn(l)})
    ensures CountryColumnsAdded(committed, tx, langs) == Some(tx)
    decreases |langs|
  {
    if langs != [] {
      assert langs[0] in langs;
      CountryColumnsNoOp(committed, tx, langs[1..]);
    }
  }

  lemma {:induction false} CityColumnsNoOp(committed: Schema, tx: Schema, langs: seq<string>)
    requires forall l :: l in langs ==> HasColumns(committed, CityTable, {NameColumn(l)})
    ensures CityColumnsAdded(committed, tx, langs) == Some(tx)
    decreases |langs|
  {
    if langs != [] {
      assert langs[0] in langs;
      CityColumnsNoOp(committed, tx, langs[1..]);
    }
  }

  /** On a schema that already has everything, preparation changes nothing. */
  lemma PreparedNoOp(s: Schema, langs: seq<string>)
    requires Ready(s, langs)
    ensures Prepared(s, langs) == Some(s)
  {
    CountryColumnsNoOp(s, s, langs);
    CityColumnsNoOp(s, s, langs);
  }

  /** Running the preparation again on what it committed commits the same schema: the
      existence check makes it safe on every startup. */
  lemma PreparedIdempotent(s: Schema, langs: seq<string>)
    requires WellFormed(s)
    requires Prepared(s, langs).Some?
    ensures Prepared(Prepared(s, langs).value, langs) == Prepared(s, langs)
  {
    PreparedReady(s, langs);
    PreparedNoOp(Prepared(s, langs).value, langs);
  }

  /** A second configuration that repeats the codes already prepared (the db package appends
      them to the list instead of replacing it) leaves the schema as it is. */
  lemma RepeatedPrepareKeepsSchema(s: Schema, langs: seq<string>)
    requires WellFormed(s)
    requires Prepared(s, langs).Some?
    ensures Prepared(Prepared(s, langs).value, langs + langs) == Prepared(s, langs)
  {
    PreparedReady(s, langs);
    PreparedNoOp(Prepared(s, langs).value, langs + langs);
  }

  lemma {:induction false} FreshCountryColumns(committed: Schema, tx: Schema, langs: seq<string>)
    requires CountryTable !in committed && CountryTable in tx
    ensures CountryColumnsAdded(committed, tx, langs).Some? <==>
              Distinct(langs) && forall l :: l in langs ==> NameColumn(l) !in tx[CountryTable]
    decreases |langs|
  {
    if langs != [] {
      var lang := langs[0];
      DistinctCons(langs);
      var next := AddColumn(tx, CountryTable, NameColumn(lang));
      if next.Some? {
        FreshCountryColumns(committed, next.value, langs[1..]);
        forall l | l in langs[1..] ensures NameColumn(l) in next.value[CountryTable] <==>
                                           NameColumn(l) in tx[CountryTable] || l == lang {
          ColumnNamesDistinct(l, lang);
        }
      } else {
        assert lang in langs;
      }
    }
  }

  lemma {:induction false} FreshCityColumns(committed: Schema, tx: Schema, langs: seq<string>)
    requires CityTable !in committed && CityTable in tx
    ensures CityColumnsAdded(committed, tx, langs).Some? <==>
              Distinct(langs) && forall l :: l in langs ==>
                NameColumn(l) !in tx[CityTable] && AddressColumn(l) !in tx[CityTable]
    decreases |langs|
  {
    if langs != [] {
      var lang := langs[0];
      DistinctCons(langs);
      assert lang in langs;
      ColumnNamesDistinct(lang, lang);
      var next := AddColumn(tx, CityTable, NameColumn(lang));
      if next.Some? {
        var next' := AddColumn(next.value, CityTable, AddressColumn(lang));
        if next'.Some? {
          var tx'' := next'.value;
          FreshCityColumns(committed, tx'', langs[1..]);
          forall l | l in langs[1..]
            ensures (NameColumn(l) in tx''[CityTable] <==> NameColumn(l) in tx[CityTable] || l == lang)
            ensures (AddressColumn(l) in tx''[CityTable] <==> AddressColumn(l) in tx[CityTable] || l == lang)
          {
            ColumnNamesDistinct(l, lang);
            ColumnNamesDistinct(lang, l);
          }
        }
      }
    }
  }

  /** On an empty database the preparation succeeds exactly when no language code is
      configured twice: the repeated code's column is not yet committed, so the existence
      check misses it and the second ALTER fails. */
  lemma FreshPrepareSucceedsIffDistinct(langs: seq<string>)
    ensures Prepared(map[], langs).Some? <==> Distinct(langs)
  {
    var empty: Schema := map[];
    var tx0 := CreateTable(empty, CountryTable, CountryKeys);
    forall l | l in langs ensures NameColumn(l) !in tx0[CountryTable] {
      ColumnNamesDistinct(l, l);
    }
    FreshCountryColumns(empty, tx0, langs);
    CountryColumnsAddedShape(empty, tx0, langs);
    var r := CountryColumnsAdded(empty, tx0, langs);
    if r.Some? {
      var tx1 := r.value;
      assert CityTable !in tx1;
      var tx2 := CreateTable(tx1, CityTable, CityKeys);
      forall l | l in langs ensures NameColumn(l) !in tx2[CityTable] && AddressColumn(l) !in tx2[CityTable] {
        ColumnNamesDistinct(l, l);
      }
      FreshCityColumns(empty, tx2, langs);
    }
  }
}
